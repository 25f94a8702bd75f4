/** memories/memories_database_creator.py: an agent's memory database is
    created from its seed file when neither of its files exists yet. */
module MemoriesDatabaseCreator {
  import opened Wrappers
  import opened Errors
  import opened StringUtils
  import opened Timestamps
  import opened Records
  import opened Files
  import opened Annoy
  import opened Vectorization
  import opened Saving

  /** _are_base_files_missing: true only when both files are absent. */
  function AreBaseFilesMissing(fs: FileSystem, vectorPath: Path, jsonPath: Path): bool
    reads fs
  {
    !fs.IsFile(vectorPath) && !fs.IsFile(jsonPath)
  }

  /** One memory per line of the seed file, in file order: the stripped line
      with a period at the end. */
  function SeedMemories(lines: seq<string>): seq<string> {
    seq(|lines|, i requires 0 <= i < |lines| => EndStringWithPeriod(Strip(lines[i])))
  }

  /** A seed line ends in a period once normalised, keeps its text up to the
      surrounding whitespace, and a blank line becomes ".". */
  lemma SeedLineNormalised(line: string)
    ensures var m := EndStringWithPeriod(Strip(line));
      && |m| > 0 && m[|m| - 1] == '.'
      && Strip(line) <= m
      && ((forall j | 0 <= j < |line| :: IsSpace(line[j])) ==> m == ".")
  {
    var stripped := Strip(line);
    EndStringWithPeriodEndsInPeriod(stripped);
    assert RStrip(stripped) == stripped;
    if forall j | 0 <= j < |line| :: IsSpace(line[j]) {
      assert RStrip(line) == [];
      EndStringWithPeriodOfEmpty();
    }
  }

  /** The seeds keep the number and order of the lines, each normalised. */
  lemma SeedMemoriesNormalised(lines: seq<string>)
    ensures |SeedMemories(lines)| == |lines|
    ensures forall i | 0 <= i < |lines| ::
      var m := SeedMemories(lines)[i];
      |m| > 0 && m[|m| - 1] == '.' && Strip(lines[i]) <= m
  {
    forall i | 0 <= i < |lines|
      ensures var m := SeedMemories(lines)[i];
        |m| > 0 && m[|m| - 1] == '.' && Strip(lines[i]) <= m
    {
      assert SeedMemories(lines)[i] == EndStringWithPeriod(Strip(lines[i]));
      SeedLineNormalised(lines[i]);
    }
  }

  /** _load_seed_memories */
  function LoadSeedMemories(fs: FileSystem, seedPath: Path): Result<seq<string>, Error>
    reads fs
  {
    var lines :- fs.ReadLines(seedPath);
    Success(SeedMemories(lines))
  }

  /** _load_and_verify_seed_memories: a missing seed file raises FileNotFoundError. */
  function LoadAndVerifySeedMemories(fs: FileSystem, seedPath: Path): (r: Result<seq<string>, Error>)
    reads fs
    ensures !fs.IsFile(seedPath) ==> r == Failure(FileNotFound(seedPath))
    ensures r.Success? <==> fs.IsFile(seedPath) && fs.files[seedPath].TextFile?
    ensures r.Success? ==> r.value == SeedMemories(fs.files[seedPath].lines)
  {
    if !fs.IsFile(seedPath) then Failure(FileNotFound(seedPath)) else LoadSeedMemories(fs, seedPath)
  }

  /** The files after a database was created from `seeds`: the index file
      holds their embeddings and the JSON document their records under the
      ids 0 .. |seeds| - 1. */
  ghost predicate CreatedFromSeeds(before: map<Path, File>, after: map<Path, File>, vectorPath: Path, jsonPath: Path,
                                   seeds: seq<string>, now: DateTime, c: Collaborators)
  {
    && MemoryDictionaries(0, seeds, now, c).Success?
    && var memories := MemoryDictionaries(0, seeds, now, c).value;
    && (forall k: nat :: k in memories <==> k < |seeds|)
    && TableJsonReady(memories)
    && after == before[vectorPath := IndexFile(Embeddings(seeds, c))][jsonPath := JsonFile(memories)]
  }

  /** _create_vector_database_and_json_file: a fresh index receives the seeds
      and is unloaded whatever happens. */
  method CreateVectorDatabaseAndJsonFile(fs: FileSystem, now: DateTime, vectorPath: Path, jsonPath: Path,
                                         seeds: seq<string>, c: Collaborators)
    returns (o: Outcome<Error>, newIndex: AnnoyIndex)
    modifies fs
    ensures fresh(newIndex) && newIndex.state == Unloaded && newIndex.items == []
    ensures MemoryDictionaries(0, seeds, now, c).Failure? ==>
      o == Fail(MemoryDictionaries(0, seeds, now, c).error) && fs.files == old(fs.files)
    ensures MemoryDictionaries(0, seeds, now, c).Success? ==>
      IndexThenJson(old(fs.files), fs.files, fs.unwritable, vectorPath, jsonPath, Embeddings(seeds, c),
                    MemoryDictionaries(0, seeds, now, c).value, o)
    ensures o.Pass? && jsonPath !in old(fs.files) ==>
      CreatedFromSeeds(old(fs.files), fs.files, vectorPath, jsonPath, seeds, now, c)
  {
    newIndex := new AnnoyIndex();
    ghost var before := fs.files;
    o := SaveMemories(fs, now, seeds, newIndex, vectorPath, jsonPath, c);
    ghost var after := fs.files;
    if MemoryDictionaries(0, seeds, now, c).Success? {
      assert newIndex.items == Embeddings(seeds, c);
    }
    if o.Pass? && jsonPath !in before {
      assert newIndex.items == Embeddings(seeds, c);
      SavedIntoNothing(before, after, vectorPath, jsonPath, newIndex.items,
                       MemoryDictionaries(0, seeds, now, c).value);
      MemoryDictionariesKeys(0, seeds, now, c);
      MemoryDictionariesValues(0, seeds, now, c);
      ghost var memories := MemoryDictionaries(0, seeds, now, c).value;
      assert forall k: nat :: k in memories <==> k < |seeds|;
      assert CreatedFromSeeds(before, after, vectorPath, jsonPath, seeds, now, c);
    }
    newIndex.Unload();
  }

  /** Into two distinct writable paths with no JSON document yet, a creation
      whose ratings all succeed passes and leaves the database of the seeds. */
  lemma CreationPassesWhenWritable(before: map<Path, File>, after: map<Path, File>, unwritable: set<Path>,
                                   vectorPath: Path, jsonPath: Path, seeds: seq<string>, now: DateTime,
                                   c: Collaborators, o: Outcome<Error>)
    requires vectorPath != jsonPath && jsonPath !in before
    requires vectorPath !in unwritable && jsonPath !in unwritable
    requires MemoryDictionaries(0, seeds, now, c).Success?
    requires IndexThenJson(before, after, unwritable, vectorPath, jsonPath, Embeddings(seeds, c),
                           MemoryDictionaries(0, seeds, now, c).value, o)
    ensures o.Pass?
    ensures CreatedFromSeeds(before, after, vectorPath, jsonPath, seeds, now, c)
  {
    MemoryDictionariesKeys(0, seeds, now, c);
    MemoryDictionariesValues(0, seeds, now, c);
    var memories := MemoryDictionaries(0, seeds, now, c).value;
    assert Merged(before[vectorPath := IndexFile(Embeddings(seeds, c))], jsonPath, memories) == memories;
    assert forall k: nat :: k in memories <==> k < |seeds|;
  }

  /** The body of create_database once the three paths are known: nothing
      happens unless both files are missing, a missing seed file is reported
      before any index exists, and the index made is unloaded on every path. */
  method CreateFromSeeds(fs: FileSystem, now: DateTime, vectorPath: Path, jsonPath: Path, seedPath: Path,
                         c: Collaborators)
    returns (o: Outcome<Error>, newIndex: AnnoyIndex?)
    modifies fs
    ensures !old(AreBaseFilesMissing(fs, vectorPath, jsonPath)) ==>
      o.Pass? && newIndex == null && fs.files == old(fs.files)
    ensures old(AreBaseFilesMissing(fs, vectorPath, jsonPath)) && old(LoadAndVerifySeedMemories(fs, seedPath)).Failure? ==>
      o == Fail(old(LoadAndVerifySeedMemories(fs, seedPath)).error) && newIndex == null && fs.files == old(fs.files)
    ensures newIndex != null ==> fresh(newIndex) && newIndex.state == Unloaded
    ensures old(AreBaseFilesMissing(fs, vectorPath, jsonPath)) && old(LoadAndVerifySeedMemories(fs, seedPath)).Success? ==>
      var seeds := old(LoadAndVerifySeedMemories(fs, seedPath)).value;
      && (MemoryDictionaries(0, seeds, now, c).Failure? ==>
            o == Fail(MemoryDictionaries(0, seeds, now, c).error) && fs.files == old(fs.files))
      && (MemoryDictionaries(0, seeds, now, c).Success? ==>
            IndexThenJson(old(fs.files), fs.files, fs.unwritable, vectorPath, jsonPath, Embeddings(seeds, c),
                          MemoryDictionaries(0, seeds, now, c).value, o))
    ensures o.Pass? && old(AreBaseFilesMissing(fs, vectorPath, jsonPath)) ==>
      && old(LoadAndVerifySeedMemories(fs, seedPath)).Success?
      && CreatedFromSeeds(old(fs.files), fs.files, vectorPath, jsonPath,
                          old(LoadAndVerifySeedMemories(fs, seedPath)).value, now, c)
  {
    if !AreBaseFilesMissing(fs, vectorPath, jsonPath) {
      return Pass, null;
    }
    var seeds := LoadAndVerifySeedMemories(fs, seedPath);
    if seeds.Failure? {
      return Fail(seeds.error), null;
    }
    o, newIndex := CreateVectorDatabaseAndJsonFile(fs, now, vectorPath, jsonPath, seeds.value, c);
  }

  /** MemoriesDatabaseCreator.create_database for the agent `agentName`, whose
      file locations `layout` gives. */
  method CreateDatabase(fs: FileSystem, agentName: string, now: DateTime, layout: string -> MemoryPaths,
                        c: Collaborators)
    returns (o: Outcome<Error>, newIndex: AnnoyIndex?)
    modifies fs
    ensures var paths := layout(agentName);
      && (!old(AreBaseFilesMissing(fs, paths.baseMemories, paths.baseMemoriesJson)) ==>
            o.Pass? && newIndex == null && fs.files == old(fs.files))
      && (old(AreBaseFilesMissing(fs, paths.baseMemories, paths.baseMemoriesJson)) && !old(fs.IsFile(paths.seedMemories)) ==>
            o == Fail(FileNotFound(paths.seedMemories)) && newIndex == null && fs.files == old(fs.files))
      && (newIndex != null ==> fresh(newIndex) && newIndex.state == Unloaded)
      && (old(AreBaseFilesMissing(fs, paths.baseMemories, paths.baseMemoriesJson))
          && old(LoadAndVerifySeedMemories(fs, paths.seedMemories)).Success? ==>
            var seeds := old(LoadAndVerifySeedMemories(fs, paths.seedMemories)).value;
            && (MemoryDictionaries(0, seeds, now, c).Failure? ==>
                  o == Fail(MemoryDictionaries(0, seeds, now, c).error) && fs.files == old(fs.files))
            && (MemoryDictionaries(0, seeds, now, c).Success? ==>
                  IndexThenJson(old(fs.files), fs.files, fs.unwritable, paths.baseMemories, paths.baseMemoriesJson,
                                Embeddings(seeds, c), MemoryDictionaries(0, seeds, now, c).value, o)))
      && (o.Pass? && old(AreBaseFilesMissing(fs, paths.baseMemories, paths.baseMemoriesJson)) ==>
            && old(LoadAndVerifySeedMemories(fs, paths.seedMemories)).Success?
            && CreatedFromSeeds(old(fs.files), fs.files, paths.baseMemories, paths.baseMemoriesJson,
                                old(LoadAndVerifySeedMemories(fs, paths.seedMemories)).value, now, c))
  {
    var paths := layout(agentName);
    o, newIndex := CreateFromSeeds(fs, now, paths.baseMemories, paths.baseMemoriesJson, paths.seedMemories, c);
  }
}
